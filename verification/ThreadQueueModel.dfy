/** The multi-stream thread queue as a monitor: one function per critical
    section, and what holds after every interleaving of them.

    A thread that reaches the condition wait leaves the monitor and is recorded
    in `waiting`; a broadcast puts every waiting thread into `signalled`; `Resume`
    is a waiting thread getting the lock back.  A thread may resume without having
    been signalled, since condition variables allow spurious wakeups. */
module ThreadQueueModel {
  type Tid = nat

  datatype Flags = Flags(send: bool, recv: bool)
  datatype Elem<T> = Elem(item: T, stream: nat)
  datatype Wait<T> = Sending(stream: nat, item: T) | Receiving

  datatype Queue<T> = Queue(
    capacity: nat,
    finished: seq<Flags>,
    fifo: seq<Elem<T>>,
    waiting: map<Tid, Wait<T>>,
    signalled: set<Tid>)

  datatype Event<T> =
    | Send(t: Tid, stream: nat, item: T)
    | Receive(t: Tid)
    | Resume(t: Tid)
    | SendFinish(stream: nat)
    | ReceiveFinish(stream: nat)

  datatype Outcome<T> =
    | Sent(stream: nat, item: T)
    | SendEof(stream: nat)
    | SendInvalid(stream: nat)
    | SendBlocked
    | Got(stream: nat, item: T)
    | StreamEof(stream: nat)
    | AllEof
    | ReceiveBlocked
    | Marked

  function Init<T>(capacity: nat, nbStreams: nat): Queue<T> {
    Queue(capacity, seq(nbStreams, _ => Flags(false, false)), [], map[], {})
  }

  // ----- critical sections -----

  function Broadcast<T>(q: Queue<T>): Queue<T> {
    q.(signalled := q.waiting.Keys)
  }

  function Sleep<T>(q: Queue<T>, t: Tid, w: Wait<T>): Queue<T> {
    q.(waiting := q.waiting[t := w], signalled := q.signalled - {t})
  }

  function Wake<T>(q: Queue<T>, t: Tid): Queue<T> {
    q.(waiting := q.waiting - {t}, signalled := q.signalled - {t})
  }

  function MarkSend<T>(q: Queue<T>, s: nat): Queue<T>
    requires s < |q.finished|
  {
    q.(finished := q.finished[s := q.finished[s].(send := true)])
  }

  function MarkRecv<T>(q: Queue<T>, s: nat): Queue<T>
    requires s < |q.finished|
  {
    q.(finished := q.finished[s := q.finished[s].(recv := true)])
  }

  /** The wait loop of tq_send and what follows it; the SEND flag is not looked at here. */
  function TrySend<T>(q: Queue<T>, t: Tid, s: nat, x: T): (r: (Queue<T>, Outcome<T>))
    requires s < |q.finished|
    ensures r.0.capacity == q.capacity && |r.0.finished| == |q.finished|
  {
    if q.finished[s].recv then (MarkSend(q, s), SendEof(s))
    else if |q.fifo| >= q.capacity then (Sleep(q, t, Sending(s, x)), SendBlocked)
    else (Broadcast(q.(fifo := q.fifo + [Elem(x, s)])), Sent(s, x))
  }

  function EnterSend<T>(q: Queue<T>, t: Tid, s: nat, x: T): (r: (Queue<T>, Outcome<T>))
    requires s < |q.finished|
    ensures r.0.capacity == q.capacity && |r.0.finished| == |q.finished|
  {
    if q.finished[s].send then (q, SendInvalid(s)) else TrySend(q, t, s, x)
  }

  ghost predicate StreamsOk<T>(q: Queue<T>) {
    && (forall e <- q.fifo :: e.stream < |q.finished|)
    && (forall t <- q.waiting :: q.waiting[t].Sending? ==> q.waiting[t].stream < |q.finished|)
  }

  /** The fifo without its leading elements of streams the receiver is done with. */
  function Skip<T>(fifo: seq<Elem<T>>, finished: seq<Flags>): (rest: seq<Elem<T>>)
    requires forall e <- fifo :: e.stream < |finished|
    ensures |rest| <= |fifo| && forall e <- rest :: e.stream < |finished|
    ensures rest != [] ==> !finished[rest[0].stream].recv
  {
    if fifo == [] || !finished[fifo[0].stream].recv then fifo else Skip(fifo[1..], finished)
  }

  predicate SendOnly(f: Flags) { f.send && !f.recv }

  /** The first stream from `i` on that still owes its receiver an EOF, or the stream count. */
  function FirstSendOnly(finished: seq<Flags>, i: nat): (s: nat)
    requires i <= |finished|
    ensures i <= s <= |finished|
    ensures forall k :: i <= k < s ==> !SendOnly(finished[k])
    ensures s < |finished| ==> SendOnly(finished[s])
    decreases |finished| - i
  {
    if i == |finished| || SendOnly(finished[i]) then i else FirstSendOnly(finished, i + 1)
  }

  predicate AllRecv(finished: seq<Flags>) {
    forall k | 0 <= k < |finished| :: finished[k].recv
  }

  /** What receive_locked answers once nothing is left to read; ReceiveBlocked stands for EAGAIN. */
  function EofRound<T>(q: Queue<T>): (r: (Queue<T>, Outcome<T>))
    ensures r.0.capacity == q.capacity && |r.0.finished| == |q.finished|
  {
    var s := FirstSendOnly(q.finished, 0);
    if s < |q.finished| then (MarkRecv(q, s), StreamEof(s))
    else (q, if AllRecv(q.finished) then AllEof else ReceiveBlocked)
  }

  function ReceiveLocked<T>(q: Queue<T>): (r: (Queue<T>, Outcome<T>))
    requires StreamsOk(q)
    ensures r.0.capacity == q.capacity && |r.0.finished| == |q.finished|
  {
    var rest := Skip(q.fifo, q.finished);
    if rest != [] then (q.(fifo := rest[1..]), Got(rest[0].stream, rest[0].item))
    else EofRound(q.(fifo := []))
  }

  function TryReceive<T>(q: Queue<T>, t: Tid): (r: (Queue<T>, Outcome<T>))
    requires StreamsOk(q)
    ensures r.0.capacity == q.capacity && |r.0.finished| == |q.finished|
  {
    var (q1, out) := ReceiveLocked(q);
    var q2 := if |q1.fifo| != |q.fifo| then Broadcast(q1) else q1;
    if out == ReceiveBlocked then (Sleep(q2, t, Receiving), out) else (q2, out)
  }

  // ----- runs -----

  ghost predicate Enabled<T>(q: Queue<T>, e: Event<T>) {
    match e
    case Send(t, s, _) => t !in q.waiting && s < |q.finished|
    case Receive(t) => t !in q.waiting
    case Resume(t) => t in q.waiting
    case SendFinish(s) => s < |q.finished|
    case ReceiveFinish(s) => s < |q.finished|
  }

  function Step<T>(q: Queue<T>, e: Event<T>): (r: (Queue<T>, Outcome<T>))
    requires StreamsOk(q) && Enabled(q, e)
    ensures r.0.capacity == q.capacity && |r.0.finished| == |q.finished|
  {
    match e
    case Send(t, s, x) => EnterSend(q, t, s, x)
    case Receive(t) => TryReceive(q, t)
    case Resume(t) =>
      var w := q.waiting[t];
      if w.Sending? then TrySend(Wake(q, t), t, w.stream, w.item) else TryReceive(Wake(q, t), t)
    case SendFinish(s) => (Broadcast(MarkSend(q, s)), Marked)
    case ReceiveFinish(s) => (Broadcast(MarkRecv(q, s)), Marked)
  }

  /** No lost wakeup: a thread that sleeps unsignalled has a reason to. */
  ghost predicate MaySleep<T>(q: Queue<T>, w: Wait<T>) {
    match w
    case Sending(s, _) => s < |q.finished| && |q.fifo| == q.capacity && !q.finished[s].recv
    case Receiving =>
      && q.fifo == []
      && (forall k | 0 <= k < |q.finished| :: !SendOnly(q.finished[k]))
      && !AllRecv(q.finished)
  }

  ghost predicate NoLostWakeup<T>(q: Queue<T>) {
    forall t <- q.waiting :: t in q.signalled || MaySleep(q, q.waiting[t])
  }

  ghost predicate Inv<T>(q: Queue<T>) {
    && 0 < q.capacity
    && |q.fifo| <= q.capacity
    && StreamsOk(q)
    && q.signalled <= q.waiting.Keys
    && NoLostWakeup(q)
  }

  lemma TrySendKeepsInv<T>(q: Queue<T>, t: Tid, s: nat, x: T)
    requires Inv(q) && t !in q.waiting && s < |q.finished|
    ensures Inv(TrySend(q, t, s, x).0)
  {
    if q.finished[s].recv {
      var q1 := MarkSend(q, s);
      forall u | u in q1.waiting && u !in q1.signalled
        ensures MaySleep(q1, q1.waiting[u])
      {
        assert MaySleep(q, q.waiting[u]);
        if q.waiting[u].Receiving? {
          var k :| 0 <= k < |q.finished| && !q.finished[k].recv;
          assert !q1.finished[k].recv;
        }
      }
    }
  }

  lemma TryReceiveKeepsInv<T>(q: Queue<T>, t: Tid)
    requires Inv(q) && t !in q.waiting
    ensures Inv(TryReceive(q, t).0)
  {
    var (q1, out) := ReceiveLocked(q);
    if |q1.fifo| == |q.fifo| {
      assert q.fifo == [];
    }
  }

  lemma StepKeepsInv<T>(q: Queue<T>, e: Event<T>)
    requires Inv(q) && Enabled(q, e)
    ensures Inv(Step(q, e).0)
  {
    match e
    case Send(t, s, x) => if !q.finished[s].send { TrySendKeepsInv(q, t, s, x); }
    case Receive(t) => TryReceiveKeepsInv(q, t);
    case Resume(t) =>
      var w := q.waiting[t];
      assert Inv(Wake(q, t));
      if w.Sending? { TrySendKeepsInv(Wake(q, t), t, w.stream, w.item); }
      else { TryReceiveKeepsInv(Wake(q, t), t); }
    case SendFinish(s) =>
    case ReceiveFinish(s) =>
  }

  /** A run: the queue before and after every event, and what each event returned. */
  datatype Run<T> = Run(qs: seq<Queue<T>>, evs: seq<Event<T>>, outs: seq<Outcome<T>>)

  ghost predicate StepAt<T>(r: Run<T>, k: nat)
    requires k < |r.evs| && |r.outs| == |r.evs| && |r.qs| == |r.evs| + 1
  {
    StreamsOk(r.qs[k]) && Enabled(r.qs[k], r.evs[k]) && Step(r.qs[k], r.evs[k]) == (r.qs[k + 1], r.outs[k])
  }

  ghost predicate IsRun<T>(r: Run<T>) {
    && |r.outs| == |r.evs| && |r.qs| == |r.evs| + 1
    && r.qs[0] == Init(r.qs[0].capacity, |r.qs[0].finished|)
    && 0 < r.qs[0].capacity
    && forall k | 0 <= k < |r.evs| :: StepAt(r, k)
  }

  /** The items a stream's senders were told are queued, in order. */
  function Accepted<T>(outs: seq<Outcome<T>>, s: nat): seq<T> {
    if outs == [] then []
    else
      var last := outs[|outs| - 1];
      Accepted(outs[..|outs| - 1], s) + (if last.Sent? && last.stream == s then [last.item] else [])
  }

  /** The items of a stream the receivers were handed, in order. */
  function Delivered<T>(outs: seq<Outcome<T>>, s: nat): seq<T> {
    if outs == [] then []
    else
      var last := outs[|outs| - 1];
      Delivered(outs[..|outs| - 1], s) + (if last.Got? && last.stream == s then [last.item] else [])
  }

  function Pending<T>(fifo: seq<Elem<T>>, s: nat): seq<T> {
    if fifo == [] then []
    else (if fifo[0].stream == s then [fifo[0].item] else []) + Pending(fifo[1..], s)
  }

  lemma {:induction false} PendingAppend<T>(fifo: seq<Elem<T>>, e: Elem<T>, s: nat)
    ensures Pending(fifo + [e], s) == Pending(fifo, s) + if e.stream == s then [e.item] else []
  {
    if fifo == [] {
      assert fifo + [e] == [e] && [e][1..] == [];
    } else {
      assert (fifo + [e])[1..] == fifo[1..] + [e];
      PendingAppend(fifo[1..], e, s);
    }
  }

  lemma {:induction false} PendingSkip<T>(fifo: seq<Elem<T>>, finished: seq<Flags>, s: nat)
    requires forall e <- fifo :: e.stream < |finished|
    requires s < |finished| && !finished[s].recv
    ensures Pending(Skip(fifo, finished), s) == Pending(fifo, s)
  {
    if fifo != [] && finished[fifo[0].stream].recv { PendingSkip(fifo[1..], finished, s); }
  }

  /** No event clears a flag, and a stream's RECV flag shuts it for good. */
  ghost predicate FlagsKept<T>(q: Queue<T>, q1: Queue<T>, out: Outcome<T>, s: nat)
    requires s < |q.finished| == |q1.finished|
  {
    && (q.finished[s].recv ==> q1.finished[s].recv)
    && (q.finished[s].send ==> q1.finished[s].send)
    && (q.finished[s].recv ==> out != StreamEof(s) && !((out.Sent? || out.Got?) && out.stream == s))
    && (out == StreamEof(s) ==> q.finished[s].send && q1.finished[s].recv && q1.fifo == [])
    && (out == AllEof ==> q1.finished == q.finished && AllRecv(q.finished) && q1.fifo == [])
    && (out.Sent? || out.Got? ==> out.stream < |q.finished|)
  }

  /** ... and the section does not make the stream owe an EOF. */
  ghost predicate FlagsQuiet<T>(q: Queue<T>, q1: Queue<T>, out: Outcome<T>, s: nat)
    requires s < |q.finished| == |q1.finished|
  {
    FlagsKept(q, q1, out, s) && (SendOnly(q1.finished[s]) ==> SendOnly(q.finished[s]))
  }

  lemma TrySendFlags<T>(q: Queue<T>, t: Tid, st: nat, x: T, s: nat)
    requires st < |q.finished| && s < |q.finished|
    ensures FlagsQuiet(q, TrySend(q, t, st, x).0, TrySend(q, t, st, x).1, s)
  {
  }

  lemma ReceiveLockedFlags<T>(q: Queue<T>, s: nat)
    requires StreamsOk(q) && s < |q.finished|
    ensures FlagsQuiet(q, ReceiveLocked(q).0, ReceiveLocked(q).1, s)
  {
    var rest := Skip(q.fifo, q.finished);
    if rest != [] {
      hide FirstSendOnly, AllRecv, Skip;
    } else {
      EofRoundFlags(q.(fifo := []), s);
      hide EofRound, Skip;
    }
  }

  lemma EofRoundFlags<T>(q: Queue<T>, s: nat)
    requires s < |q.finished| && q.fifo == []
    ensures FlagsQuiet(q, EofRound(q).0, EofRound(q).1, s)
  {
    hide FirstSendOnly, AllRecv;
  }

  lemma TryReceiveFlags<T>(q: Queue<T>, t: Tid, s: nat)
    requires StreamsOk(q) && s < |q.finished|
    ensures FlagsQuiet(q, TryReceive(q, t).0, TryReceive(q, t).1, s)
  {
    ReceiveLockedFlags(q, s);
    hide ReceiveLocked;
  }

  lemma StepFlags<T>(q: Queue<T>, e: Event<T>, s: nat)
    requires StreamsOk(q) && Enabled(q, e) && s < |q.finished|
    ensures FlagsKept(q, Step(q, e).0, Step(q, e).1, s)
    ensures SendOnly(Step(q, e).0.finished[s]) && !SendOnly(q.finished[s]) ==> e == SendFinish(s)
  {
    hide TrySend, TryReceive;
    match e
    case Send(t, st, x) => TrySendFlags(q, t, st, x, s);
    case Receive(t) => TryReceiveFlags(q, t, s);
    case Resume(t) =>
      var w := q.waiting[t];
      if w.Sending? { TrySendFlags(Wake(q, t), t, w.stream, w.item, s); } else { TryReceiveFlags(Wake(q, t), t, s); }
    case SendFinish(st) =>
    case ReceiveFinish(st) =>
  }

  /** How one critical section moves the history of a stream that is still open. */
  ghost predicate Moves<T>(s: nat, before: seq<Elem<T>>, after: seq<Elem<T>>, out: Outcome<T>) {
    if out.Sent? && out.stream == s then Pending(after, s) == Pending(before, s) + [out.item]
    else if out.Got? && out.stream == s then Pending(before, s) == [out.item] + Pending(after, s)
    else Pending(after, s) == Pending(before, s) && (out == StreamEof(s) ==> Pending(before, s) == [])
  }

  lemma TrySendMoves<T>(q: Queue<T>, t: Tid, st: nat, x: T, s: nat)
    requires st < |q.finished|
    ensures var (q1, out) := TrySend(q, t, st, x); Moves(s, q.fifo, q1.fifo, out)
  {
    PendingAppend(q.fifo, Elem(x, st), s);
  }

  lemma ReceiveLockedMoves<T>(q: Queue<T>, s: nat)
    requires StreamsOk(q) && s < |q.finished| && !q.finished[s].recv
    ensures var (q1, out) := ReceiveLocked(q); Moves(s, q.fifo, q1.fifo, out)
  {
    PendingSkip(q.fifo, q.finished, s);
  }

  lemma TryReceiveMoves<T>(q: Queue<T>, t: Tid, s: nat)
    requires StreamsOk(q) && s < |q.finished| && !q.finished[s].recv
    ensures var (q1, out) := TryReceive(q, t); Moves(s, q.fifo, q1.fifo, out)
  {
    ReceiveLockedMoves(q, s);
    hide ReceiveLocked;
  }

  lemma StepMoves<T>(q: Queue<T>, e: Event<T>, s: nat)
    requires StreamsOk(q) && Enabled(q, e) && s < |q.finished| && !q.finished[s].recv
    ensures var (q1, out) := Step(q, e); Moves(s, q.fifo, q1.fifo, out)
  {
    hide TrySend, TryReceive;
    match e
    case Send(t, st, x) => TrySendMoves(q, t, st, x, s);
    case Receive(t) => TryReceiveMoves(q, t, s);
    case Resume(t) =>
      var w := q.waiting[t];
      if w.Sending? { TrySendMoves(Wake(q, t), t, w.stream, w.item, s); }
      else { TryReceiveMoves(Wake(q, t), t, s); }
    case SendFinish(st) =>
    case ReceiveFinish(st) =>
  }

  // ----- what holds over every run -----

  lemma {:induction false} RunInv<T>(r: Run<T>, k: nat)
    requires IsRun(r) && k <= |r.evs|
    ensures Inv(r.qs[k]) && |r.qs[k].finished| == |r.qs[0].finished| && r.qs[k].capacity == r.qs[0].capacity
  {
    if k == 0 {
    } else {
      RunInv(r, k - 1);
      assert StepAt(r, k - 1);
      StepKeepsInv(r.qs[k - 1], r.evs[k - 1]);
    }
  }

  /** At every point of every run: an unsignalled sleeping sender faces a full fifo and a stream
      its receiver still wants; an unsignalled sleeping receiver faces an empty fifo, owes nobody
      an EOF and some stream is still open; so the two are never both asleep. */
  lemma SleepersHaveReason<T>(r: Run<T>, k: nat, t: Tid)
    requires IsRun(r) && k <= |r.evs|
    requires t in r.qs[k].waiting && t !in r.qs[k].signalled
    ensures MaySleep(r.qs[k], r.qs[k].waiting[t])
    ensures forall u <- r.qs[k].waiting ::
      u in r.qs[k].signalled || r.qs[k].waiting[u].Sending? == r.qs[k].waiting[t].Sending?
  {
    RunInv(r, k);
  }

  /** Whoever receives while a sender sleeps makes room and signals that sender. */
  lemma ReceiveFreesSenders<T>(r: Run<T>, k: nat, t: Tid, u: Tid)
    requires IsRun(r) && k <= |r.evs|
    requires t in r.qs[k].waiting && t !in r.qs[k].signalled && r.qs[k].waiting[t].Sending?
    requires u !in r.qs[k].waiting
    ensures var (q1, out) := (assert Inv(r.qs[k]) by { RunInv(r, k); } TryReceive(r.qs[k], u));
      |q1.fifo| < q1.capacity && t in q1.signalled
  {
    RunInv(r, k);
  }

  /** What a run has done to a stream so far. */
  ghost predicate History<T>(q: Queue<T>, outs: seq<Outcome<T>>, s: nat)
    requires s < |q.finished|
  {
    if q.finished[s].recv then Delivered(outs, s) <= Accepted(outs, s)
    else Accepted(outs, s) == Delivered(outs, s) + Pending(q.fifo, s)
  }

  lemma StepHistory<T>(q: Queue<T>, e: Event<T>, outs: seq<Outcome<T>>, s: nat)
    requires StreamsOk(q) && Enabled(q, e) && s < |q.finished| && History(q, outs, s)
    ensures History(Step(q, e).0, outs + [Step(q, e).1], s)
  {
    StepFlags(q, e, s);
    if !q.finished[s].recv { StepMoves(q, e, s); }
    hide Step;
    assert (outs + [Step(q, e).1])[..|outs|] == outs;
  }

  lemma {:induction false} RunHistory<T>(r: Run<T>, k: nat, s: nat)
    requires IsRun(r) && k <= |r.evs| && s < |r.qs[0].finished|
    ensures |r.qs[k].finished| == |r.qs[0].finished|
    ensures History(r.qs[k], r.outs[..k], s)
  {
    RunInv(r, k);
    hide Step, Inv;
    if k == 0 {
    } else {
      RunHistory(r, k - 1, s);
      assert StepAt(r, k - 1);
      StepHistory(r.qs[k - 1], r.evs[k - 1], r.outs[..k - 1], s);
      assert r.outs[..k] == r.outs[..k - 1] + [r.outs[k - 1]];
    }
  }

  /** Per-stream FIFO: what was delivered is always the beginning of what was accepted. */
  lemma DeliveredIsPrefix<T>(r: Run<T>, k: nat, s: nat)
    requires IsRun(r) && k <= |r.evs| && s < |r.qs[0].finished|
    ensures Delivered(r.outs[..k], s) <= Accepted(r.outs[..k], s)
  {
    RunHistory(r, k, s);
  }

  lemma {:induction false} RecvStays<T>(r: Run<T>, i: nat, k: nat, s: nat)
    requires IsRun(r) && i <= k <= |r.evs| && s < |r.qs[0].finished|
    requires |r.qs[i].finished| == |r.qs[0].finished| && r.qs[i].finished[s].recv
    ensures |r.qs[k].finished| == |r.qs[0].finished| && r.qs[k].finished[s].recv
    ensures Accepted(r.outs[..k], s) == Accepted(r.outs[..i], s)
    ensures Delivered(r.outs[..k], s) == Delivered(r.outs[..i], s)
    decreases k
  {
    if i == k {
    } else {
      RecvStays(r, i, k - 1, s);
      RunInv(r, k);
      assert StepAt(r, k - 1);
      assert r.outs[..k][..k - 1] == r.outs[..k - 1];
      StepFlags(r.qs[k - 1], r.evs[k - 1], s);
    }
  }

  lemma {:induction false} SendFlagHasCause<T>(r: Run<T>, k: nat, s: nat)
    requires IsRun(r) && k <= |r.evs| && s < |r.qs[0].finished|
    ensures |r.qs[k].finished| == |r.qs[0].finished|
    ensures SendOnly(r.qs[k].finished[s]) ==> exists j :: 0 <= j < k && r.evs[j] == SendFinish(s)
  {
    RunInv(r, k);
    if k == 0 {
    } else {
      SendFlagHasCause(r, k - 1, s);
      assert StepAt(r, k - 1);
      StepFlags(r.qs[k - 1], r.evs[k - 1], s);
      hide Step, Inv;
    }
  }

  lemma EofNow<T>(r: Run<T>, k: nat, s: nat)
    requires IsRun(r) && k < |r.evs| && s < |r.qs[0].finished| && r.outs[k] == StreamEof(s)
    ensures |r.qs[k].finished| == |r.qs[k + 1].finished| == |r.qs[0].finished|
    ensures SendOnly(r.qs[k].finished[s]) && r.qs[k + 1].finished[s].recv
    ensures Delivered(r.outs[..k], s) == Accepted(r.outs[..k], s)
  {
    RunHistory(r, k, s);
    RunInv(r, k);
    RunInv(r, k + 1);
    assert StepAt(r, k);
    StepFlags(r.qs[k], r.evs[k], s);
    StepMoves(r.qs[k], r.evs[k], s);
    hide Step, Inv, Delivered, Accepted;
  }

  lemma AfterEof<T>(r: Run<T>, k: nat, s: nat, i: nat)
    requires IsRun(r) && k < i <= |r.evs| && s < |r.qs[0].finished| && r.outs[k] == StreamEof(s)
    ensures i < |r.evs| ==> r.outs[i] != StreamEof(s)
    ensures Accepted(r.outs[..i], s) == Accepted(r.outs[..k], s)
    ensures Delivered(r.outs[..i], s) == Delivered(r.outs[..k], s)
  {
    EofNow(r, k, s);
    RecvStays(r, k + 1, i, s);
    assert r.outs[..k + 1][..k] == r.outs[..k];
    if i < |r.evs| {
      assert StepAt(r, i);
      StepFlags(r.qs[i], r.evs[i], s);
    }
    hide Step, Inv;
  }

  /** The EOF of a stream is exact: it comes only after a tq_send_finish, when everything accepted
      has been delivered; nothing is accepted or delivered afterwards, and it never comes again. */
  lemma StreamEofIsExact<T>(r: Run<T>, k: nat, s: nat)
    requires IsRun(r) && k < |r.evs| && s < |r.qs[0].finished| && r.outs[k] == StreamEof(s)
    ensures Delivered(r.outs[..k], s) == Accepted(r.outs[..k], s)
    ensures exists j :: 0 <= j < k && r.evs[j] == SendFinish(s)
    ensures forall i :: k < i < |r.evs| ==> r.outs[i] != StreamEof(s)
    ensures forall i :: k < i <= |r.evs| ==> Accepted(r.outs[..i], s) == Accepted(r.outs[..k], s)
    ensures forall i :: k < i <= |r.evs| ==> Delivered(r.outs[..i], s) == Delivered(r.outs[..k], s)
  {
    EofNow(r, k, s);
    SendFlagHasCause(r, k, s);
    hide IsRun, Delivered, Accepted;
    forall i | k < i <= |r.evs|
      ensures i < |r.evs| ==> r.outs[i] != StreamEof(s)
      ensures Accepted(r.outs[..i], s) == Accepted(r.outs[..k], s)
      ensures Delivered(r.outs[..i], s) == Delivered(r.outs[..k], s)
    {
      AfterEof(r, k, s, i);
    }
  }

  predicate IsReceiveResult<T>(out: Outcome<T>) {
    out.Got? || out.StreamEof? || out.AllEof? || out.ReceiveBlocked?
  }

  /** EOF without a stream is returned exactly when every stream is RECV-finished, and then by every later receive. */
  lemma AllEofStays<T>(r: Run<T>, k: nat, i: nat)
    requires IsRun(r) && k <= i < |r.evs| && IsReceiveResult(r.outs[k]) && IsReceiveResult(r.outs[i])
    ensures r.outs[k] == AllEof <==> AllRecv(r.qs[k].finished)
    ensures r.outs[k] == AllEof ==> r.outs[i] == AllEof
  {
    RunInv(r, k);
    RunInv(r, i);
    assert StepAt(r, k) && StepAt(r, i);
    AllEofStep(r.qs[k], r.evs[k]);
    if r.outs[k] == AllEof {
      forall s | 0 <= s < |r.qs[i].finished| ensures r.qs[i].finished[s].recv {
        RecvStays(r, k, i, s);
      }
      AllEofStep(r.qs[i], r.evs[i]);
    }
  }

  lemma AllEofStep<T>(q: Queue<T>, e: Event<T>)
    requires StreamsOk(q) && Enabled(q, e)
    ensures Step(q, e).1 == AllEof ==> AllRecv(q.finished)
    ensures AllRecv(q.finished) && IsReceiveResult(Step(q, e).1) ==> Step(q, e).1 == AllEof
  {
  }

  // ----- sending after the sending side was finished -----

  /** What sets a stream's SEND flag: tq_send_finish, or a tq_send turned away by the receiver. */
  ghost predicate Finishes<T>(e: Event<T>, out: Outcome<T>, s: nat) {
    e == SendFinish(s) || out == SendEof(s)
  }

  lemma StepSendFlag<T>(q: Queue<T>, e: Event<T>, s: nat)
    requires StreamsOk(q) && Enabled(q, e) && s < |q.finished|
    ensures Step(q, e).0.finished[s].send <==> q.finished[s].send || Finishes(e, Step(q, e).1, s)
  {
    hide Skip, FirstSendOnly, AllRecv;
    match e
    case Send(t, st, x) =>
    case Receive(t) => ReceiveSendFlag(q, t, s);
    case Resume(t) => if q.waiting[t].Receiving? { ReceiveSendFlag(Wake(q, t), t, s); }
    case SendFinish(st) =>
    case ReceiveFinish(st) =>
  }

  lemma ReceiveSendFlag<T>(q: Queue<T>, t: Tid, s: nat)
    requires StreamsOk(q) && s < |q.finished|
    ensures TryReceive(q, t).0.finished[s].send == q.finished[s].send && !TryReceive(q, t).1.SendEof?
  {
    hide Skip, FirstSendOnly, AllRecv;
  }

  lemma {:induction false} SendFlagIff<T>(r: Run<T>, k: nat, s: nat)
    requires IsRun(r) && k <= |r.evs| && s < |r.qs[0].finished|
    ensures |r.qs[k].finished| == |r.qs[0].finished|
    ensures r.qs[k].finished[s].send <==> exists j :: 0 <= j < k && Finishes(r.evs[j], r.outs[j], s)
  {
    RunInv(r, k);
    if k == 0 {
    } else {
      SendFlagIff(r, k - 1, s);
      assert StepAt(r, k - 1);
      StepSendFlag(r.qs[k - 1], r.evs[k - 1], s);
      hide Step, Inv;
    }
  }

  /** A tq_send is refused as invalid exactly if the stream's sending side has been finished before it. */
  lemma RefusedIff<T>(r: Run<T>, k: nat, t: Tid, s: nat, x: T)
    requires IsRun(r) && k < |r.evs| && r.evs[k] == Send(t, s, x)
    ensures r.outs[k] == SendInvalid(s) <==> exists j :: 0 <= j < k && Finishes(r.evs[j], r.outs[j], s)
  {
    RunInv(r, k);
    assert StepAt(r, k);
    SendFlagIff(r, k, s);
  }

  lemma StepWaits<T>(q: Queue<T>, e: Event<T>, t: Tid)
    requires StreamsOk(q) && Enabled(q, e)
    requires t in Step(q, e).0.waiting && Step(q, e).0.waiting[t].Sending?
    ensures var w := Step(q, e).0.waiting[t];
      || (t in q.waiting && q.waiting[t] == w)
      || (e == Send(t, w.stream, w.item) && Step(q, e).1 == SendBlocked && w.stream < |q.finished|
          && !q.finished[w.stream].send)
  {
    hide Skip, FirstSendOnly, AllRecv;
  }

  /** A waiting sender called tq_send, and was let in, when the sending side was not finished yet. */
  lemma {:induction false} WaiterEntered<T>(r: Run<T>, k: nat, t: Tid) returns (i: nat)
    requires IsRun(r) && k <= |r.evs| && t in r.qs[k].waiting && r.qs[k].waiting[t].Sending?
    ensures var w := r.qs[k].waiting[t];
      && i < k && r.evs[i] == Send(t, w.stream, w.item) && r.outs[i] == SendBlocked
      && w.stream < |r.qs[i].finished| && !r.qs[i].finished[w.stream].send
  {
    if k == 0 {
      assert false;
    }
    assert StepAt(r, k - 1);
    StepWaits(r.qs[k - 1], r.evs[k - 1], t);
    var w := r.qs[k].waiting[t];
    if t in r.qs[k - 1].waiting && r.qs[k - 1].waiting[t] == w {
      i := WaiterEntered(r, k - 1, t);
    } else {
      i := k - 1;
    }
  }

  lemma StepSent<T>(q: Queue<T>, e: Event<T>, s: nat, x: T)
    requires StreamsOk(q) && Enabled(q, e) && Step(q, e).1 == Sent(s, x) && s < |q.finished| && q.finished[s].send
    ensures e.Resume? && q.waiting[e.t] == Sending(s, x)
  {
    hide Skip, FirstSendOnly, AllRecv;
  }

  /** Exactly who gets an item in after the sending side was finished: a sender that was waiting across
      the finish.  If an item is sent although the stream was finished at j, its tq_send was made and
      blocked before any finish, and the step that lets it in is its wakeup. */
  lemma SentAfterFinish<T>(r: Run<T>, j: nat, k: nat, s: nat, x: T) returns (i: nat)
    requires IsRun(r) && j < k < |r.evs| && s < |r.qs[0].finished|
    requires Finishes(r.evs[j], r.outs[j], s) && r.outs[k] == Sent(s, x)
    ensures r.evs[k].Resume? && i < j && r.evs[i] == Send(r.evs[k].t, s, x) && r.outs[i] == SendBlocked
    ensures forall l | 0 <= l < i :: !Finishes(r.evs[l], r.outs[l], s)
  {
    RunInv(r, k);
    SendFlagIff(r, k, s);
    assert StepAt(r, k);
    StepSent(r.qs[k], r.evs[k], s, x);
    hide Step, Inv;
    i := WaiterEntered(r, k, r.evs[k].t);
    SendFlagIff(r, i, s);
    if i == j {
      assert false;
    }
  }

  /** And such a sender does get in whenever it wakes to find room and a receiver that still wants the stream. */
  lemma WaiterGetsIn<T>(r: Run<T>, k: nat, t: Tid, s: nat, x: T)
    requires IsRun(r) && k < |r.evs| && r.evs[k] == Resume(t)
    requires t in r.qs[k].waiting && r.qs[k].waiting[t] == Sending(s, x)
    ensures s < |r.qs[k].finished|
    ensures r.outs[k] == Sent(s, x) <==> |r.qs[k].fifo| < r.qs[k].capacity && !r.qs[k].finished[s].recv
  {
    RunInv(r, k);
    assert StepAt(r, k);
  }

  /** One more event at the end of a run. */
  lemma Extend<T>(r: Run<T>, e: Event<T>) returns (r': Run<T>)
    requires IsRun(r) && Enabled(r.qs[|r.evs|], e)
    ensures IsRun(r') && StreamsOk(r.qs[|r.evs|])
    ensures var (q, out) := Step(r.qs[|r.evs|], e); r' == Run(r.qs + [q], r.evs + [e], r.outs + [out])
  {
    RunInv(r, |r.evs|);
    hide Step;
    var (q, out) := Step(r.qs[|r.evs|], e);
    r' := Run(r.qs + [q], r.evs + [e], r.outs + [out]);
    forall k | 0 <= k < |r'.evs| ensures StepAt(r', k) {
      if k < |r.evs| { assert StepAt(r, k); }
    }
  }

  /** It happens: thread 1 waits for room, the stream is finished, and its item is accepted all the same. */
  lemma BlockedSenderGetsIn<T>(a: T, b: T) returns (r: Run<T>)
    ensures IsRun(r)
    ensures r.evs == [Send(0, 0, a), Send(1, 0, b), SendFinish(0), Receive(2), Resume(1)]
    ensures r.outs == [Sent(0, a), SendBlocked, Marked, Got(0, a), Sent(0, b)]
  {
    r := Run([Init(1, 1)], [], []);
    r := Extend(r, Send(0, 0, a));
    r := Extend(r, Send(1, 0, b));
    r := Extend(r, SendFinish(0));
    r := Extend(r, Receive(2));
    r := Extend(r, Resume(1));
  }

  // ----- receiving finished: what closes a stream for its senders -----

  /** What sets a stream's RECV flag: tq_receive_finish, or the stream's own EOF. */
  ghost predicate Closes<T>(e: Event<T>, out: Outcome<T>, s: nat) {
    e == ReceiveFinish(s) || out == StreamEof(s)
  }

  lemma StepRecvFlag<T>(q: Queue<T>, e: Event<T>, s: nat)
    requires StreamsOk(q) && Enabled(q, e) && s < |q.finished|
    ensures Step(q, e).0.finished[s].recv <==> q.finished[s].recv || Closes(e, Step(q, e).1, s)
  {
    hide FirstSendOnly, AllRecv, Skip;
  }

  lemma {:induction false} RecvFlagIff<T>(r: Run<T>, k: nat, s: nat)
    requires IsRun(r) && k <= |r.evs| && s < |r.qs[0].finished|
    ensures |r.qs[k].finished| == |r.qs[0].finished|
    ensures r.qs[k].finished[s].recv <==> exists j :: 0 <= j < k && Closes(r.evs[j], r.outs[j], s)
  {
    RunInv(r, k);
    if k == 0 {
    } else {
      RecvFlagIff(r, k - 1, s);
      assert StepAt(r, k - 1);
      StepRecvFlag(r.qs[k - 1], r.evs[k - 1], s);
      hide Step, Inv;
    }
  }

  /** Turn k is thread t at its send of x on stream s: the call itself, or its wakeup. */
  ghost predicate IsSend<T>(r: Run<T>, k: nat, t: Tid, s: nat, x: T)
    requires k < |r.evs| && |r.qs| == |r.evs| + 1
  {
    || r.evs[k] == Send(t, s, x)
    || (r.evs[k] == Resume(t) && t in r.qs[k].waiting && r.qs[k].waiting[t] == Sending(s, x))
  }

  /** What every send is answered, over every run: EINVAL at the call if the sending side was finished before;
      otherwise EOF if the receiving side was; otherwise success if there is room, and a wait if not. */
  lemma SendAnswer<T>(r: Run<T>, k: nat, t: Tid, s: nat, x: T)
    requires IsRun(r) && k < |r.evs| && IsSend(r, k, t, s, x)
    ensures s < |r.qs[0].finished|
    ensures r.outs[k] ==
            if r.evs[k].Send? && (exists j :: 0 <= j < k && Finishes(r.evs[j], r.outs[j], s)) then SendInvalid(s)
            else if exists j :: 0 <= j < k && Closes(r.evs[j], r.outs[j], s) then SendEof(s)
            else if |r.qs[k].fifo| < r.qs[k].capacity then Sent(s, x) else SendBlocked
  {
    RunInv(r, k);
    assert StepAt(r, k);
    SendFlagIff(r, k, s);
    RecvFlagIff(r, k, s);
    SendStep(r.qs[k], r.evs[k], t, s, x);
    hide Step, Inv;
  }

  lemma SendStep<T>(q: Queue<T>, e: Event<T>, t: Tid, s: nat, x: T)
    requires StreamsOk(q) && Enabled(q, e) && s < |q.finished|
    requires e == Send(t, s, x) || (e == Resume(t) && t in q.waiting && q.waiting[t] == Sending(s, x))
    ensures Step(q, e).1 ==
            if e.Send? && q.finished[s].send then SendInvalid(s)
            else if q.finished[s].recv then SendEof(s)
            else if |q.fifo| < q.capacity then Sent(s, x) else SendBlocked
  {
  }

  // ----- what is received, and in which order across streams -----

  ghost predicate IsReceive<T>(r: Run<T>, k: nat, t: Tid)
    requires k < |r.evs| && |r.qs| == |r.evs| + 1
  {
    r.evs[k] == Receive(t) || (r.evs[k] == Resume(t) && t in r.qs[k].waiting && r.qs[k].waiting[t].Receiving?)
  }

  /** Element i of the fifo is the first one whose stream is not RECV-finished. */
  ghost predicate FirstWanted<T>(q: Queue<T>, i: nat)
    requires StreamsOk(q)
  {
    && i < |q.fifo| && !q.finished[q.fifo[i].stream].recv
    && forall j | 0 <= j < i :: q.finished[q.fifo[j].stream].recv
  }

  lemma {:induction false} SkipFirst<T>(q: Queue<T>, n: nat) returns (i: nat)
    requires StreamsOk(q) && n <= |q.fifo| && forall j | 0 <= j < n :: q.finished[q.fifo[j].stream].recv
    requires forall e <- q.fifo[n..] :: e.stream < |q.finished|
    ensures i <= |q.fifo| && Skip(q.fifo[n..], q.finished) == q.fifo[i..]
    ensures i < |q.fifo| ==> FirstWanted(q, i)
    ensures i == |q.fifo| ==> forall e <- q.fifo :: q.finished[e.stream].recv
    decreases |q.fifo| - n
  {
    if n == |q.fifo| || !q.finished[q.fifo[n].stream].recv {
      i := n;
    } else {
      assert q.fifo[n..][1..] == q.fifo[n + 1..];
      i := SkipFirst(q, n + 1);
    }
  }

  /** The answer to a receive and the fifo after it: the first wanted element, and what lay before it is gone;
      if there is none, the EOF of the least stream that owes one, and the fifo is empty; if none owes one, EOF
      for all, or a wait. */
  ghost predicate Answers<T>(q: Queue<T>, after: seq<Elem<T>>, out: Outcome<T>)
    requires StreamsOk(q)
  {
    if exists i: nat :: FirstWanted(q, i)
    then
      exists i: nat :: FirstWanted(q, i) && out == Got(q.fifo[i].stream, q.fifo[i].item) && after == q.fifo[i..][1..]
    else
      && after == []
      && (out.StreamEof? ==>
            && out.stream < |q.finished| && SendOnly(q.finished[out.stream])
            && forall l | 0 <= l < out.stream :: !SendOnly(q.finished[l]))
      && (!out.StreamEof? ==>
            && (forall l | 0 <= l < |q.finished| :: !SendOnly(q.finished[l]))
            && out == if AllRecv(q.finished) then AllEof else ReceiveBlocked)
  }

  lemma ReceiveAnswer<T>(r: Run<T>, k: nat, t: Tid)
    requires IsRun(r) && k < |r.evs| && IsReceive(r, k, t)
    ensures StreamsOk(r.qs[k]) && Answers(r.qs[k], r.qs[k + 1].fifo, r.outs[k])
  {
    RunInv(r, k);
    assert StepAt(r, k);
    var q := r.qs[k];
    if r.evs[k].Receive? {
      ReceiveStep(q, t);
    } else {
      ReceiveStep(Wake(q, t), t);
      hide TryReceive;
      WakeWants(q, t, r.qs[k + 1].fifo, r.outs[k]);
    }
  }

  lemma WakeWants<T>(q: Queue<T>, t: Tid, after: seq<Elem<T>>, out: Outcome<T>)
    requires StreamsOk(q) && StreamsOk(Wake(q, t)) && Answers(Wake(q, t), after, out)
    ensures Answers(q, after, out)
  {
    assert forall i: nat :: FirstWanted(q, i) <==> FirstWanted(Wake(q, t), i);
  }

  lemma ReceiveStep<T>(q: Queue<T>, t: Tid)
    requires StreamsOk(q)
    ensures Answers(q, TryReceive(q, t).0.fifo, TryReceive(q, t).1)
  {
    assert q.fifo[0..] == q.fifo;
    var i := SkipFirst(q, 0);
    if i < |q.fifo| {
      assert q.fifo[i..][0] == q.fifo[i];
    } else {
      assert forall j | 0 <= j < |q.fifo| :: q.fifo[j] in q.fifo;
    }
    hide Skip;
  }

  /** All elements the queue took in, in order, and all it handed out. */
  function TakenIn<T>(outs: seq<Outcome<T>>): seq<Elem<T>> {
    if outs == [] then []
    else
      var last := outs[|outs| - 1];
      TakenIn(outs[..|outs| - 1]) + if last.Sent? then [Elem(last.item, last.stream)] else []
  }

  function HandedOut<T>(outs: seq<Outcome<T>>): seq<Elem<T>> {
    if outs == [] then []
    else
      var last := outs[|outs| - 1];
      HandedOut(outs[..|outs| - 1]) + if last.Got? then [Elem(last.item, last.stream)] else []
  }

  /** a is b with some elements left out. */
  ghost predicate Subsequence<T>(a: seq<T>, b: seq<T>) {
    a == [] || (b != [] && (Subsequence(a, b[..|b| - 1])
                            || (a[|a| - 1] == b[|b| - 1] && Subsequence(a[..|a| - 1], b[..|b| - 1]))))
  }

  lemma {:induction false} SubsequenceOfMore<T>(a: seq<T>, b: seq<T>, c: seq<T>)
    requires Subsequence(a, b)
    ensures Subsequence(a, b + c)
  {
    if c == [] {
      assert b + c == b;
    } else {
      assert (b + c)[..|b + c| - 1] == b + c[..|c| - 1];
      SubsequenceOfMore(a, b, c[..|c| - 1]);
    }
  }

  lemma SubsequenceAndOne<T>(a: seq<T>, b: seq<T>, x: T)
    requires Subsequence(a, b)
    ensures Subsequence(a + [x], b + [x])
  {
    assert (a + [x])[..|a|] == a && (b + [x])[..|b|] == b;
  }

  /** The fifo is the rest of what was taken in, and what was handed out is part of what went before. */
  ghost predicate Rest<T>(fifo: seq<T>, handed: seq<T>, all: seq<T>, n: nat) {
    n <= |all| && fifo == all[n..] && Subsequence(handed, all[..n])
  }

  lemma RestIn<T>(fifo: seq<T>, handed: seq<T>, all: seq<T>, n: nat, e: T)
    requires Rest(fifo, handed, all, n)
    ensures Rest(fifo + [e], handed, all + [e], n)
  {
    hide Subsequence;
    assert (all + [e])[n..] == all[n..] + [e] && (all + [e])[..n] == all[..n];
  }

  lemma RestOut<T>(fifo: seq<T>, handed: seq<T>, all: seq<T>, n: nat, i: nat)
    requires Rest(fifo, handed, all, n) && i < |fifo|
    ensures Rest(fifo[i..][1..], handed + [fifo[i]], all, n + i + 1)
  {
    hide Subsequence;
    assert all[..n + i + 1] == all[..n] + all[n..n + i] + [all[n + i]];
    assert all[n + i] == fifo[i] && all[n + i + 1..] == all[n..][i..][1..];
    SubsequenceOfMore(handed, all[..n], all[n..n + i]);
    SubsequenceAndOne(handed, all[..n] + all[n..n + i], all[n + i]);
  }

  lemma RestGone<T>(fifo: seq<T>, handed: seq<T>, all: seq<T>, n: nat)
    requires Rest(fifo, handed, all, n)
    ensures Rest([], handed, all, |all|)
  {
    hide Subsequence;
    assert all[..|all|] == all[..n] + all[n..];
    SubsequenceOfMore(handed, all[..n], all[n..]);
  }

  lemma HistoriesNext<T>(outs: seq<Outcome<T>>, out: Outcome<T>)
    ensures TakenIn(outs + [out]) == if out.Sent? then TakenIn(outs) + [Elem(out.item, out.stream)] else TakenIn(outs)
    ensures HandedOut(outs + [out]) ==
            if out.Got? then HandedOut(outs) + [Elem(out.item, out.stream)] else HandedOut(outs)
  {
    assert (outs + [out])[..|outs|] == outs;
  }

  /** What a step may do to the fifo. */
  ghost predicate FifoMoves<T>(before: seq<Elem<T>>, after: seq<Elem<T>>, out: Outcome<T>) {
    if out.Sent? then after == before + [Elem(out.item, out.stream)]
    else if out.Got? then
      exists i: nat :: i < |before| && before[i] == Elem(out.item, out.stream) && after == before[i..][1..]
    else after == before || after == []
  }

  lemma OneFifoStep<T>(before: seq<Elem<T>>, after: seq<Elem<T>>, out: Outcome<T>, outs: seq<Outcome<T>>, n: nat)
    returns (n': nat)
    requires Rest(before, HandedOut(outs), TakenIn(outs), n) && FifoMoves(before, after, out)
    ensures Rest(after, HandedOut(outs + [out]), TakenIn(outs + [out]), n')
  {
    HistoriesNext(outs, out);
    hide Rest, TakenIn, HandedOut;
    n' := n;
    if out.Sent? {
      RestIn(before, HandedOut(outs), TakenIn(outs), n, Elem(out.item, out.stream));
    } else if out.Got? {
      var i: nat :| i < |before| && before[i] == Elem(out.item, out.stream) && after == before[i..][1..];
      RestOut(before, HandedOut(outs), TakenIn(outs), n, i);
      n' := n + i + 1;
    } else if after != before {
      RestGone(before, HandedOut(outs), TakenIn(outs), n);
      n' := |TakenIn(outs)|;
    }
  }

  /** One fifo for all streams: whatever streams they belong to, elements come out in the order they went in. */
  lemma {:induction false} OrderAcrossStreams<T>(r: Run<T>, k: nat) returns (n: nat)
    requires IsRun(r) && k <= |r.evs|
    ensures Rest(r.qs[k].fifo, HandedOut(r.outs[..k]), TakenIn(r.outs[..k]), n)
  {
    if k == 0 {
      n := 0;
    } else {
      var n' := OrderAcrossStreams(r, k - 1);
      FifoStep(r, k - 1);
      assert r.outs[..k] == r.outs[..k - 1] + [r.outs[k - 1]];
      hide Rest, FifoMoves, TakenIn, HandedOut;
      n := OneFifoStep(r.qs[k - 1].fifo, r.qs[k].fifo, r.outs[k - 1], r.outs[..k - 1], n');
    }
  }

  lemma AnswerMoves<T>(q: Queue<T>, after: seq<Elem<T>>, out: Outcome<T>)
    requires StreamsOk(q) && Answers(q, after, out)
    ensures FifoMoves(q.fifo, after, out)
  {
    if i: nat :| FirstWanted(q, i) {
      var n: nat :| FirstWanted(q, n) && out == Got(q.fifo[n].stream, q.fifo[n].item) && after == q.fifo[n..][1..];
      assert q.fifo[n] == Elem(out.item, out.stream);
    }
  }

  lemma FifoStep<T>(r: Run<T>, k: nat)
    requires IsRun(r) && k < |r.evs|
    ensures FifoMoves(r.qs[k].fifo, r.qs[k + 1].fifo, r.outs[k])
  {
    assert StepAt(r, k);
    RunInv(r, k);
    var q, e := r.qs[k], r.evs[k];
    if e.Receive? || (e.Resume? && q.waiting[e.t].Receiving?) {
      ReceiveAnswer(r, k, e.t);
      hide Step, Inv, Answers, FifoMoves;
      AnswerMoves(q, r.qs[k + 1].fifo, r.outs[k]);
    } else {
      hide TryReceive;
    }
  }
}
