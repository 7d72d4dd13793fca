/** The thread queue over its object pool (fftools/thread_queue.c), one method per critical section.
    A blocked tq_send or tq_receive is finished by its Resume method once the lock is regained. */
module ThreadQueues {
  import opened Common
  import opened ObjectPool
  import opened ThreadQueueModel

  datatype FifoElem<T> = FifoElem(obj: Obj<T>, stream: nat)

  ghost function Objs<T>(fifo: seq<FifoElem<T>>): set<Obj<T>> {
    set i | 0 <= i < |fifo| :: fifo[i].obj
  }

  ghost predicate Distinct<T>(fifo: seq<FifoElem<T>>) {
    forall i, j | 0 <= i < j < |fifo| :: fifo[i].obj != fifo[j].obj
  }

  lemma ObjsAppend<T>(fifo: seq<FifoElem<T>>, e: FifoElem<T>)
    requires Distinct(fifo) && e.obj !in Objs(fifo)
    ensures Distinct(fifo + [e]) && Objs(fifo + [e]) == Objs(fifo) + {e.obj}
  {
    var all := fifo + [e];
    assert forall i | 0 <= i < |fifo| :: fifo[i].obj in Objs(fifo) && all[i] == fifo[i];
    assert all[|fifo|] == e;
    assert forall o <- Objs(fifo) :: o in Objs(all);
  }

  lemma ObjsInside<T>(fifo: seq<FifoElem<T>>)
    ensures forall i | 0 <= i < |fifo| :: fifo[i].obj in Objs(fifo)
  {
  }

  lemma ObjsPop<T>(fifo: seq<FifoElem<T>>)
    requires Distinct(fifo) && fifo != []
    ensures Distinct(fifo[1..]) && Objs(fifo[1..]) == Objs(fifo) - {fifo[0].obj}
  {
    var rest := fifo[1..];
    assert forall i | 0 <= i < |rest| :: rest[i] == fifo[i + 1];
    forall o | o in Objs(fifo) && o != fifo[0].obj ensures o in Objs(rest) {
      var i :| 0 <= i < |fifo| && fifo[i].obj == o;
      assert rest[i - 1].obj == o;
    }
  }

  class ThreadQueue<T> {
    const capacity: nat
    const finished: array<Flags>
    var fifo: seq<FifoElem<T>>
    const pool: ObjPool<T>

    // The condition variable: who waits on it, and who has been signalled since.
    var waiting: map<Tid, Wait<T>>
    var signalled: set<Tid>

    // What the fields above represent.
    ghost var state: Queue<T>

    ghost predicate Valid()
      reads this, finished, pool, pool.pool, pool.issued
    {
      && pool.Valid()
      && 0 < capacity && |fifo| <= capacity
      && Owned()
      && Represents()
      && StreamsOk(state)
    }

    /** The fifo holds exactly the lent objects, each once. */
    ghost predicate Owned()
      reads this, pool
    {
      Distinct(fifo) && pool.lent == Objs(fifo)
    }

    ghost predicate Represents()
      reads this, finished, set i | 0 <= i < |fifo| :: fifo[i].obj
    {
      && state.capacity == capacity && state.finished == finished[..]
      && state.waiting == waiting && state.signalled == signalled
      && |state.fifo| == |fifo|
      && forall i | 0 <= i < |fifo| ::
           fifo[i].obj.item == Some(state.fifo[i].item) && fifo[i].stream == state.fifo[i].stream
    }

    constructor (nbStreams: nat, queueSize: nat)
      requires 0 < queueSize
      ensures Valid() && state == Init(queueSize, nbStreams)
      ensures fresh(finished) && fresh(pool) && fresh(pool.pool) && pool.issued == {}
    {
      capacity := queueSize;
      finished := new Flags[nbStreams](_ => Flags(false, false));
      fifo := [];
      pool := new ObjPool();
      waiting, signalled := map[], {};
      state := Init(queueSize, nbStreams);
    }

    /** tq_send up to its first return or condition wait. */
    method TqSend(t: Tid, s: nat, data: Obj<T>) returns (out: Outcome<T>)
      requires Valid() && t !in waiting && s < finished.Length
      requires data !in pool.issued && data.item.Some?
      modifies this, finished, pool, pool.pool, pool.issued, data
      ensures Valid() && fresh(pool.issued - old(pool.issued))
      ensures (state, out) == Step(old(state), Send(t, s, old(data.item.value)))
      ensures data.item == if out.Sent? then None else old(data.item)
    {
      if finished[s].send {
        out := SendInvalid(s);
        return;
      }
      out := SendLoop(t, s, data);
    }

    /** tq_send continued after its condition wait. */
    method TqSendResume(t: Tid, data: Obj<T>) returns (out: Outcome<T>)
      requires Valid() && t in waiting && waiting[t].Sending?
      requires data !in pool.issued && data.item == Some(waiting[t].item)
      modifies this, finished, pool, pool.pool, pool.issued, data
      ensures Valid() && fresh(pool.issued - old(pool.issued))
      ensures (state, out) == Step(old(state), Resume(t))
      ensures data.item == if out.Sent? then None else old(data.item)
    {
      var s := waiting[t].stream;
      Awake(t);
      out := SendLoop(t, s, data);
    }

    method Awake(t: Tid)
      requires Valid() && t in waiting
      modifies this`waiting, this`signalled, this`state
      ensures Valid() && state == Wake(old(state), t)
    {
      waiting, signalled := waiting - {t}, signalled - {t};
      state := Wake(state, t);
    }

    method CondWait(t: Tid, w: Wait<T>)
      requires Valid() && t !in waiting && (w.Sending? ==> w.stream < finished.Length)
      modifies this`waiting, this`signalled, this`state
      ensures Valid() && state == Sleep(old(state), t, w)
    {
      waiting, signalled := waiting[t := w], signalled - {t};
      state := Sleep(state, t, w);
    }

    method CondBroadcast()
      requires Valid()
      modifies this`signalled, this`state
      ensures Valid() && state == Broadcast(old(state))
    {
      signalled := waiting.Keys;
      state := Broadcast(state);
    }

    method SendLoop(t: Tid, s: nat, data: Obj<T>) returns (out: Outcome<T>)
      requires Valid() && t !in waiting && s < finished.Length
      requires data !in pool.issued && data.item.Some?
      modifies this, finished, pool, pool.pool, pool.issued, data
      ensures Valid() && fresh(pool.issued - old(pool.issued))
      ensures (state, out) == TrySend(old(state), t, s, old(data.item.value))
      ensures data.item == if out.Sent? then None else old(data.item)
    {
      if !finished[s].recv && |fifo| >= capacity {
        CondWait(t, Sending(s, data.item.value));
        out := SendBlocked;
      } else if finished[s].recv {
        finished[s] := finished[s].(send := true);
        state := MarkSend(state, s);
        out := SendEof(s);
      } else {
        out := Sent(s, data.item.value);
        Write(s, data.item.value);
        data.item := None;
        CondBroadcast();
      }
    }

    /** A pool object holding the item, not queued yet. */
    method Obtain(x: T) returns (obj: Obj<T>)
      requires Valid()
      modifies pool, pool.pool, pool.issued
      ensures pool.Valid() && fresh(pool.issued - old(pool.issued)) && Represents()
      ensures obj !in Objs(fifo) && pool.lent == Objs(fifo) + {obj} && obj.item == Some(x)
    {
      ObjsInside(fifo);
      obj := pool.Get();
      pool.Fill(obj, x);
    }

    /** Queues an item; there is room. */
    method Write(s: nat, x: T)
      requires Valid() && s < finished.Length && |fifo| < capacity
      modifies this`fifo, this`state, pool, pool.pool, pool.issued
      ensures Valid() && fresh(pool.issued - old(pool.issued))
      ensures state == old(state).(fifo := old(state).fifo + [Elem(x, s)])
    {
      var obj := Obtain(x);
      ObjsAppend(fifo, FifoElem(obj, s));
      state := state.(fifo := state.fifo + [Elem(x, s)]);
      fifo := fifo + [FifoElem(obj, s)];
    }

    /** Takes the head element off the fifo and gives its object back to the pool. */
    method Read() returns (x: T, s: nat)
      requires Valid() && fifo != []
      modifies this`fifo, this`state, pool, pool.pool, pool.issued
      ensures Valid() && pool.issued == old(pool.issued)
      ensures Elem(x, s) == old(state).fifo[0] && state == old(state).(fifo := old(state).fifo[1..])
    {
      var elem := fifo[0];
      x, s := elem.obj.item.value, elem.stream;
      ObjsPop(fifo);
      state := state.(fifo := state.fifo[1..]);
      fifo := fifo[1..];
      assert elem.obj !in Objs(fifo);
      pool.Release(elem.obj);
      assert forall i | 0 <= i < |fifo| :: fifo[i].obj in Objs(fifo);
    }

    /** The read loop of receive_locked: discards what belongs to RECV-finished streams. */
    method ReadWanted() returns (out: Outcome<T>)
      requires Valid()
      modifies this`fifo, this`state, pool, pool.pool, pool.issued
      ensures Valid() && pool.issued == old(pool.issued)
      ensures var rest := Skip(old(state).fifo, old(state).finished);
        if rest == [] then out == ReceiveBlocked && state == old(state).(fifo := [])
        else out == Got(rest[0].stream, rest[0].item) && state == old(state).(fifo := rest[1..])
    {
      while fifo != []
        invariant Valid() && pool.issued == old(pool.issued)
        invariant state == old(state).(fifo := state.fifo)
        invariant Skip(state.fifo, state.finished) == Skip(old(state).fifo, old(state).finished)
        decreases |fifo|
      {
        ghost var here := state.fifo;
        var x, s := Read();
        if !finished[s].recv {
          assert Skip(here, finished[..]) == here;
          return Got(s, x);
        }
      }
      out := ReceiveBlocked;
    }

    /** receive_locked: the first element of a stream still wanted, else the next EOF owed. */
    method DoReceiveLocked(data: Obj<T>) returns (out: Outcome<T>)
      requires Valid() && data !in pool.issued
      modifies this`fifo, this`state, finished, pool, pool.pool, pool.issued, data
      ensures Valid() && pool.issued == old(pool.issued)
      ensures (state, out) == ReceiveLocked(old(state))
      ensures data.item == if out.Got? then Some(out.item) else old(data.item)
    {
      out := ReadWanted();
      if out.Got? {
        data.item := Some(out.item);
      } else {
        out := NextEof();
      }
    }

    /** The scan over the streams once the fifo is empty. */
    method NextEof() returns (out: Outcome<T>)
      requires Valid()
      modifies this`state, finished
      ensures Valid()
      ensures (state, out) == EofRound(old(state))
    {
      var nbFinished := 0;
      var i := 0;
      while i < finished.Length
        invariant i <= finished.Length && nbFinished <= i
        invariant Valid() && state == old(state)
        invariant FirstSendOnly(state.finished, 0) == FirstSendOnly(state.finished, i)
        invariant nbFinished == i <==> forall k | 0 <= k < i :: state.finished[k].recv
      {
        if finished[i].send || finished[i].recv {
          if !finished[i].recv {
            finished[i] := finished[i].(recv := true);
            state := MarkRecv(state, i);
            return StreamEof(i);
          }
          nbFinished := nbFinished + 1;
        }
        i := i + 1;
      }
      out := if nbFinished == finished.Length then AllEof else ReceiveBlocked;
    }

    method ReceiveRound(t: Tid, data: Obj<T>) returns (out: Outcome<T>)
      requires Valid() && t !in waiting && data !in pool.issued
      modifies this, finished, pool, pool.pool, pool.issued, data
      ensures Valid() && pool.issued == old(pool.issued)
      ensures (state, out) == TryReceive(old(state), t)
      ensures data.item == if out.Got? then Some(out.item) else old(data.item)
    {
      var canRead := |fifo|;
      out := DoReceiveLocked(data);
      if canRead != |fifo| {
        CondBroadcast();
      }
      if out == ReceiveBlocked {
        CondWait(t, Receiving);
      }
    }

    /** tq_receive up to its first return or condition wait. */
    method TqReceive(t: Tid, data: Obj<T>) returns (out: Outcome<T>)
      requires Valid() && t !in waiting && data !in pool.issued
      modifies this, finished, pool, pool.pool, pool.issued, data
      ensures Valid() && pool.issued == old(pool.issued)
      ensures (state, out) == Step(old(state), Receive(t))
      ensures data.item == if out.Got? then Some(out.item) else old(data.item)
    {
      out := ReceiveRound(t, data);
    }

    /** tq_receive continued after its condition wait. */
    method TqReceiveResume(t: Tid, data: Obj<T>) returns (out: Outcome<T>)
      requires Valid() && t in waiting && waiting[t].Receiving? && data !in pool.issued
      modifies this, finished, pool, pool.pool, pool.issued, data
      ensures Valid() && pool.issued == old(pool.issued)
      ensures (state, out) == Step(old(state), Resume(t))
      ensures data.item == if out.Got? then Some(out.item) else old(data.item)
    {
      Awake(t);
      out := ReceiveRound(t, data);
    }

    method TqSendFinish(s: nat)
      requires Valid() && s < finished.Length
      modifies this`signalled, this`state, finished
      ensures Valid() && state == Step(old(state), SendFinish(s)).0
    {
      finished[s] := finished[s].(send := true);
      state := MarkSend(state, s);
      CondBroadcast();
    }

    method TqReceiveFinish(s: nat)
      requires Valid() && s < finished.Length
      modifies this`signalled, this`state, finished
      ensures Valid() && state == Step(old(state), ReceiveFinish(s)).0
    {
      finished[s] := finished[s].(recv := true);
      state := MarkRecv(state, s);
      CondBroadcast();
    }

    /** tq_free: afterwards everything ever allocated has been freed, and none twice. */
    method TqFree()
      requires Valid()
      modifies this`fifo, this`state, pool, pool.pool, pool.issued
      ensures fifo == [] && pool.lent == {}
      ensures pool.issued == old(pool.issued) && pool.freed == pool.issued && !pool.freedTwice
    {
      while fifo != []
        invariant Valid() && pool.issued == old(pool.issued)
        decreases |fifo|
      {
        var _, _ := Read();
      }
      pool.Free();
    }
  }
}
